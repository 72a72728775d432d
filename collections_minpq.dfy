/** MinPQ of collections/minpq.go: a binary min-heap kept in slots 1..n of
    a growable array (slot 0 is never used). Elements are integers, one
    instance of the source's `cmp.Ordered` type parameter. */
module CollectionsMinPQ {

  /** Slots 2..m are each no smaller than their parent, except the child
      slot `skipChild` and the children of `skipParent`. Stated by
      recursion on m, so that the solver unfolds it only on request. */
  ghost predicate OrderedExcept(s: seq<int>, m: int, skipChild: int, skipParent: int)
    requires m < |s|
    decreases m
  {
    m < 2 || ((m == skipChild || m / 2 == skipParent || s[m / 2] <= s[m])
              && OrderedExcept(s, m - 1, skipChild, skipParent))
  }

  /** OrderedExcept as a statement about every parent/child pair. */
  ghost predicate OrderedPairs(s: seq<int>, m: int, skipChild: int, skipParent: int)
    requires m < |s|
  {
    forall p, c :: 1 <= p && 2 <= c <= m && p == c / 2 && c != skipChild && p != skipParent ==> s[p] <= s[c]
  }

  lemma {:induction false} OrderedExceptPairs(s: seq<int>, m: int, skipChild: int, skipParent: int)
    requires m < |s|
    ensures OrderedExcept(s, m, skipChild, skipParent) <==> OrderedPairs(s, m, skipChild, skipParent)
  {
    if m >= 2 {
      OrderedExceptPairs(s, m - 1, skipChild, skipParent);
      if OrderedPairs(s, m, skipChild, skipParent) && m != skipChild && m / 2 != skipParent {
        assert s[m / 2] <= s[m];
      }
    }
  }

  /** Every live slot c >= 2 holds a value no smaller than its parent's. */
  ghost predicate MinHeap(s: seq<int>, n: int)
    requires 0 <= n < |s|
  {
    OrderedExcept(s, n, 0, 0)
  }

  /** The parent of k (when k is not the root) is no larger than k's
      children. */
  ghost predicate GrandparentOrdered(s: seq<int>, n: int, k: int)
    requires 1 <= k && 0 <= n < |s|
  {
    k > 1 ==> (2 * k <= n ==> s[k / 2] <= s[2 * k]) && (2 * k + 1 <= n ==> s[k / 2] <= s[2 * k + 1])
  }

  /** swim's invariant: heap order everywhere except between slot k and its
      parent. */
  ghost predicate MinHeapBut(s: seq<int>, n: int, k: int)
    requires 1 <= k && 0 <= n < |s|
  {
    OrderedExcept(s, n, k, 0) && GrandparentOrdered(s, n, k)
  }

  /** sink's invariant: heap order everywhere except between slot k and its
      children. */
  ghost predicate MinHeapBelow(s: seq<int>, n: int, k: int)
    requires 1 <= k && 0 <= n < |s|
  {
    OrderedExcept(s, n, 0, k) && GrandparentOrdered(s, n, k)
  }

  /** In a min-heap the root is no larger than any live slot. */
  lemma RootIsMin(s: seq<int>, n: int, k: int)
    requires 0 <= n < |s| && MinHeap(s, n)
    requires 1 <= k <= n
    ensures s[1] <= s[k]
  {
    OrderedExceptPairs(s, n, 0, 0);
    RootIsMinPairs(s, n, k);
  }

  lemma {:induction false} RootIsMinPairs(s: seq<int>, n: int, k: int)
    requires 0 <= n < |s| && OrderedPairs(s, n, 0, 0)
    requires 1 <= k <= n
    ensures s[1] <= s[k]
  {
    if k > 1 {
      RootIsMinPairs(s, n, k / 2);
      assert s[k / 2] <= s[k];
    }
  }

  /** The multiset of live slots 1..n. */
  ghost function LiveBag(s: seq<int>, n: int): multiset<int>
    requires 0 <= n < |s|
  {
    multiset(s[1..n + 1])
  }

  lemma LiveBagSize(s: seq<int>, n: int)
    requires 1 <= n < |s|
    ensures |LiveBag(s, n)| == n
  {
  }

  /** Removing the last live slot removes its value from the bag. */
  lemma LiveBagLast(s: seq<int>, n: int)
    requires 1 <= n < |s|
    ensures LiveBag(s, n) == (if n == 1 then multiset{} else LiveBag(s, n - 1)) + multiset{s[n]}
  {
    assert s[1..n + 1] == s[1..n] + [s[n]];
  }

  /** Exchanging the root with the last live slot and dropping that slot
      takes exactly the root's value out of the bag. */
  lemma DelMinBag(s: seq<int>, n: int)
    requires 1 <= n < |s|
    ensures LiveBag(s, n) == (if n == 1 then multiset{} else LiveBag(Swap(s, 1, n), n - 1)) + multiset{s[1]}
  {
    SwapLive(s, n, 1, n);
    LiveBagLast(Swap(s, 1, n), n);
  }

  /** The root is held, and in a heap no held value is below it. */
  lemma LiveBagRoot(s: seq<int>, n: int)
    requires 1 <= n < |s| && MinHeap(s, n)
    ensures s[1] in LiveBag(s, n)
    ensures forall x :: x in LiveBag(s, n) ==> s[1] <= x
  {
    assert s[1..n + 1][0] == s[1];
    forall x | x in LiveBag(s, n)
      ensures s[1] <= x
    {
      var i :| 0 <= i < n && s[1..n + 1][i] == x;
      RootIsMin(s, n, i + 1);
    }
  }

  /** Insert's start: the old heap of n - 1 slots, copied and extended by a
      value in slot n, is a heap except above slot n and holds one more
      value. */
  lemma InsertStart(s: seq<int>, t: seq<int>, n: int, bag: multiset<int>)
    requires 1 <= n < |t| && n - 1 <= |s|
    requires n == 1 || (n - 1 < |s| && MinHeap(s, n - 1) && bag == LiveBag(s, n - 1))
    requires n == 1 ==> bag == multiset{}
    requires forall i :: 1 <= i < n ==> t[i] == s[i]
    ensures MinHeapBut(t, n, n)
    ensures LiveBag(t, n) == bag + multiset{t[n]}
  {
    LiveBagLast(t, n);
    if n > 1 {
      assert t[1..n] == s[1..n];
      OrderedExceptPairs(s, n - 1, 0, 0);
      OrderedExceptPairs(t, n, n, 0);
      forall q, i | 1 <= q && 2 <= i <= n && q == i / 2 && i != n
        ensures t[q] <= t[i]
      {
        assert s[q] <= s[i];
      }
    }
  }

  /** Swapping s[i] and s[j]. */
  function Swap(s: seq<int>, i: int, j: int): (t: seq<int>)
    requires 0 <= i < |s| && 0 <= j < |s|
    ensures |t| == |s| && t[i] == s[j] && t[j] == s[i]
    ensures forall m :: 0 <= m < |s| && m != i && m != j ==> t[m] == s[m]
  {
    s[i := s[j]][j := s[i]]
  }

  /** Swapping two live slots keeps the multiset of live values. */
  lemma SwapLive(s: seq<int>, n: int, i: int, j: int)
    requires 1 <= i <= n < |s| && 1 <= j <= n
    ensures LiveBag(Swap(s, i, j), n) == LiveBag(s, n)
  {
    var a := s[1..n + 1];
    assert Swap(s, i, j)[1..n + 1] == a[i - 1 := a[j - 1]][j - 1 := a[i - 1]];
  }

  /** One step of swim: exchanging slot c with a parent that is not smaller
      moves the hole in the heap order up to the parent. */
  lemma SwimStep(s: seq<int>, n: int, c: int)
    requires 1 < c <= n < |s| && MinHeapBut(s, n, c)
    requires !(s[c / 2] < s[c])
    ensures MinHeapBut(Swap(s, c, c / 2), n, c / 2)
  {
    var t := Swap(s, c, c / 2);
    var p := c / 2;
    OrderedExceptPairs(s, n, c, 0);
    OrderedExceptPairs(t, n, p, 0);
    forall q, i | 1 <= q && 2 <= i <= n && q == i / 2 && i != p
      ensures t[q] <= t[i]
    {
      SwimPair(s, n, c, q, i);
    }
    if p > 1 {
      assert s[p / 2] <= s[p];
    }
  }

  lemma SwimPair(s: seq<int>, n: int, c: int, q: int, i: int)
    requires 1 < c <= n < |s| && OrderedPairs(s, n, c, 0) && GrandparentOrdered(s, n, c)
    requires !(s[c / 2] < s[c])
    requires 1 <= q && 2 <= i <= n && q == i / 2 && i != c / 2
    ensures Swap(s, c, c / 2)[q] <= Swap(s, c, c / 2)[i]
  {
    var p := c / 2;
    if i == c {
    } else if q == c {
      assert Swap(s, c, p)[q] == s[p];
    } else if q == p {
      assert s[p] <= s[i];
    } else {
      assert s[q] <= s[i];
    }
  }

  lemma SwimDone(s: seq<int>, n: int, c: int)
    requires 1 <= c <= n < |s| && MinHeapBut(s, n, c)
    requires c == 1 || s[c / 2] < s[c]
    ensures MinHeap(s, n)
  {
    OrderedExceptPairs(s, n, c, 0);
    OrderedExceptPairs(s, n, 0, 0);
  }

  /** One step of sink: exchanging slot c with its smaller child j, when j
      is not larger, moves the hole in the heap order down to j. */
  lemma SinkStep(s: seq<int>, n: int, c: int, j: int)
    requires 1 <= c && 2 * c <= n < |s| && MinHeapBelow(s, n, c)
    requires j == 2 * c || j == 2 * c + 1
    requires j <= n && s[j] <= s[2 * c] && (2 * c + 1 <= n ==> s[j] <= s[2 * c + 1])
    requires !(s[c] < s[j])
    ensures MinHeapBelow(Swap(s, j, c), n, j)
  {
    var t := Swap(s, j, c);
    OrderedExceptPairs(s, n, 0, c);
    OrderedExceptPairs(t, n, 0, j);
    forall q, i | 1 <= q && 2 <= i <= n && q == i / 2 && q != j
      ensures t[q] <= t[i]
    {
      SinkPair(s, n, c, j, q, i);
    }
    assert 2 * j <= n ==> s[j] <= s[2 * j];
    assert 2 * j + 1 <= n ==> s[j] <= s[2 * j + 1];
  }

  lemma SinkPair(s: seq<int>, n: int, c: int, j: int, q: int, i: int)
    requires 1 <= c && 2 * c <= n < |s| && OrderedPairs(s, n, 0, c) && GrandparentOrdered(s, n, c)
    requires j == 2 * c || j == 2 * c + 1
    requires j <= n && s[j] <= s[2 * c] && (2 * c + 1 <= n ==> s[j] <= s[2 * c + 1])
    requires !(s[c] < s[j])
    requires 1 <= q && 2 <= i <= n && q == i / 2 && q != j
    ensures Swap(s, j, c)[q] <= Swap(s, j, c)[i]
  {
    if q == c {
    } else if i == c {
      assert s[q] <= s[j];
    } else {
      assert s[q] <= s[i];
    }
  }

  lemma SinkDone(s: seq<int>, n: int, c: int, j: int)
    requires 1 <= c && 0 <= n < |s| && MinHeapBelow(s, n, c)
    requires 2 * c <= n ==> 0 <= j <= n && s[j] <= s[2 * c] && (2 * c + 1 <= n ==> s[j] <= s[2 * c + 1])
    requires 2 * c > n || (0 <= j <= n && s[c] < s[j])
    ensures MinHeap(s, n)
  {
    OrderedExceptPairs(s, n, 0, c);
    OrderedExceptPairs(s, n, 0, 0);
    forall q, i | 1 <= q && 2 <= i <= n && q == i / 2
      ensures s[q] <= s[i]
    {
      if q == c {
        assert i == 2 * c || i == 2 * c + 1;
      }
    }
  }

  /** DelMin's start: after moving the last live slot to the root and
      dropping the count, only the root may be out of order. */
  lemma DelMinStart(s: seq<int>, n: int)
    requires 1 <= n < |s| && MinHeap(s, n)
    ensures MinHeapBelow(Swap(s, 1, n), n - 1, 1)
  {
    var t := Swap(s, 1, n);
    OrderedExceptPairs(s, n, 0, 0);
    OrderedExceptPairs(t, n - 1, 0, 1);
    forall q, i | 1 <= q && 2 <= i <= n - 1 && q == i / 2 && q != 1
      ensures t[q] <= t[i]
    {
      assert s[q] <= s[i];
    }
  }

  /** DelMin's plan: the root is the least held value, and exchanging it
      with the last live slot and dropping that slot leaves a heap below
      the root that holds every other value. */
  lemma DelMinFacts(s: seq<int>, n: int)
    requires 1 <= n < |s| && MinHeap(s, n)
    ensures s[1] in LiveBag(s, n)
    ensures forall x :: x in LiveBag(s, n) ==> s[1] <= x
    ensures MinHeapBelow(Swap(s, 1, n), n - 1, 1)
    ensures LiveBag(s, n) - multiset{s[1]} == LiveBag(Swap(s, 1, n), n - 1)
  {
    LiveBagRoot(s, n);
    DelMinStart(s, n);
    DelMinBag(s, n);
  }

  class MinPQ {
    var pq: array<int>
    var n: int

    ghost predicate Valid()
      reads this, pq
    {
      && 0 <= n
      && (n == 0 || n < pq.Length)
      && (n == 0 || MinHeap(pq[..], n))
    }

    /** The values held by the queue: the multiset of slots 1..n. */
    ghost function Contents(): multiset<int>
      reads this, pq
      requires Valid()
    {
      if n == 0 then multiset{} else LiveBag(pq[..], n)
    }

    /** NewMinPQ: an empty slice and a zero count. */
    constructor ()
      ensures Valid() && Contents() == multiset{} && n == 0
      ensures pq.Length == 0 && fresh(pq)
    {
      pq := new int[0];
      n := 0;
    }

    /** Every value in the queue is at least Min, which is itself held. */
    function Min(): (r: int)
      reads this, pq
      requires Valid() && n >= 1
      ensures r in Contents()
      ensures forall x :: x in Contents() ==> r <= x
    {
      LiveBagRoot(pq[..], n);
      pq[1]
    }

    lemma ContentsSize()
      requires Valid()
      ensures |Contents()| == n
    {
      if n > 0 { LiveBagSize(pq[..], n); }
    }

    function IsEmpty(): (r: bool)
      reads this, pq
      requires Valid()
      ensures r <==> Contents() == multiset{}
    {
      ContentsSize();
      n == 0
    }

    function Size(): (r: int)
      reads this, pq
      requires Valid()
      ensures r == |Contents()|
    {
      ContentsSize();
      n
    }

    /** The reallocation step of Insert: a fresh array of twice the new
        count, with the old slots copied to its front. */
    method Grow()
      requires 0 < n && pq.Length <= n
      modifies this
      ensures n == old(n) && fresh(pq) && pq.Length == 2 * n
      ensures pq[..old(pq.Length)] == old(pq[..])
    {
      var newPQ := new int[2 * n];
      var i := 0;
      while i < pq.Length
        modifies newPQ
        invariant 0 <= i <= pq.Length
        invariant newPQ[..i] == pq[..i]
      {
        newPQ[i] := pq[i];
        i := i + 1;
      }
      assert pq[..pq.Length] == pq[..];
      pq := newPQ;
    }

    /** Insert: raises the count, grows the array when slot n would not fit,
        stores the value in slot n and swims it up. */
    method Insert(value: int)
      requires Valid()
      modifies this, pq
      ensures Valid()
      ensures n == old(n) + 1
      ensures Contents() == old(Contents()) + multiset{value}
      ensures old(pq.Length) <= n ==> fresh(pq) && pq.Length == 2 * n
      ensures old(pq.Length) > n ==> pq == old(pq)
    {
      ghost var before := pq[..];
      ghost var bag := Contents();
      n := n + 1;
      if pq.Length <= n {
        Grow();
      }
      pq[n] := value;
      InsertStart(before, pq[..], n, bag);
      Swim(n);
    }

    /** swim: moves slot k up while its parent is not smaller. */
    method Swim(k: int)
      requires 1 <= k <= n < pq.Length
      requires MinHeapBut(pq[..], n, k)
      modifies pq
      ensures MinHeap(pq[..], n)
      ensures LiveBag(pq[..], n) == old(LiveBag(pq[..], n))
    {
      var c := k;
      while c > 1 && !(pq[c / 2] < pq[c])
        invariant 1 <= c <= n
        invariant MinHeapBut(pq[..], n, c)
        invariant LiveBag(pq[..], n) == old(LiveBag(pq[..], n))
        decreases c
      {
        ghost var s := pq[..];
        SwimStep(s, n, c);
        SwapLive(s, n, c, c / 2);
        pq[c], pq[c / 2] := pq[c / 2], pq[c];
        assert pq[..] == Swap(s, c, c / 2);
        c := c / 2;
      }
      SwimDone(pq[..], n, c);
    }

    /** sink: moves slot k down, swapping it with its smaller child while
        that child is not larger. */
    method Sink(k: int)
      requires 1 <= k && 0 <= n < pq.Length
      requires MinHeapBelow(pq[..], n, k)
      modifies pq
      ensures MinHeap(pq[..], n)
      ensures LiveBag(pq[..], n) == old(LiveBag(pq[..], n))
    {
      var c := k;
      while c * 2 <= n
        invariant 1 <= c
        invariant MinHeapBelow(pq[..], n, c)
        invariant LiveBag(pq[..], n) == old(LiveBag(pq[..], n))
        decreases n - c
      {
        var j := c * 2;
        if j < n && !(pq[j] < pq[j + 1]) {
          j := j + 1;
        }
        if pq[c] < pq[j] {
          SinkDone(pq[..], n, c, j);
          return;
        }
        ghost var s := pq[..];
        SinkStep(s, n, c, j);
        SwapLive(s, n, j, c);
        pq[j], pq[c] := pq[c], pq[j];
        assert pq[..] == Swap(s, j, c);
        c := j;
      }
      SinkDone(pq[..], n, c, 0);
    }

    /** DelMin: moves the last live slot to the root, drops the count and
        sinks the root; returns the old root. */
    method DelMin() returns (min: int)
      requires Valid() && n >= 1
      modifies this, pq
      ensures Valid() && pq == old(pq)
      ensures n == old(n) - 1
      ensures min in old(Contents())
      ensures forall x :: x in old(Contents()) ==> min <= x
      ensures Contents() == old(Contents()) - multiset{min}
    {
      ghost var s := pq[..];
      DelMinFacts(s, n);
      min := pq[1];
      pq[1], pq[n] := pq[n], pq[1];
      n := n - 1;
      Sink(1);
    }
  }
}
