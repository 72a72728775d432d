/** Position-wise sequence edits shared by the list-like containers. Each
    is defined by a sequence comprehension, so that a proof about one
    position needs no reasoning about slices; the lemmas below give the
    slice forms. */
module SeqUtil {

  /** s with x placed at position k and the rest moved up by one. */
  function InsertAt<T>(s: seq<T>, k: int, x: T): (r: seq<T>)
    requires 0 <= k <= |s|
    ensures |r| == |s| + 1
    ensures forall i :: 0 <= i < |r| ==> r[i] == if i < k then s[i] else if i == k then x else s[i - 1]
  {
    seq(|s| + 1, i requires 0 <= i <= |s| => if i < k then s[i] else if i == k then x else s[i - 1])
  }

  lemma InsertAtSlices<T>(s: seq<T>, k: int, x: T)
    requires 0 <= k <= |s|
    ensures InsertAt(s, k, x) == s[..k] + [x] + s[k..]
  {
  }

  /** s without position k, the later elements moved down by one. */
  function RemoveAt<T>(s: seq<T>, k: int): (r: seq<T>)
    requires 0 <= k < |s|
    ensures |r| == |s| - 1
    ensures forall i :: 0 <= i < |r| ==> r[i] == if i < k then s[i] else s[i + 1]
  {
    seq(|s| - 1, i requires 0 <= i < |s| - 1 => if i < k then s[i] else s[i + 1])
  }

  lemma RemoveAtSlices<T>(s: seq<T>, k: int)
    requires 0 <= k < |s|
    ensures RemoveAt(s, k) == s[..k] + s[k + 1..]
  {
  }

  /** Inserting adds exactly one occurrence of x and keeps the rest. */
  lemma InsertAtMultiset<T>(s: seq<T>, k: int, x: T)
    requires 0 <= k <= |s|
    ensures multiset(InsertAt(s, k, x)) == multiset(s) + multiset{x}
  {
    InsertAtSlices(s, k, x);
    assert s == s[..k] + s[k..];
  }

  /** Removing drops exactly one occurrence of s[k] and keeps the rest. */
  lemma RemoveAtMultiset<T>(s: seq<T>, k: int)
    requires 0 <= k < |s|
    ensures multiset(RemoveAt(s, k)) == multiset(s) - multiset{s[k]}
  {
    RemoveAtSlices(s, k);
    assert s == s[..k] + [s[k]] + s[k + 1..];
  }

  /** Removing what was just inserted gives the sequence back. */
  lemma RemoveInsert<T>(s: seq<T>, k: int, x: T)
    requires 0 <= k <= |s|
    ensures RemoveAt(InsertAt(s, k, x), k) == s
  {
    var r := RemoveAt(InsertAt(s, k, x), k);
    forall i | 0 <= i < |s|
      ensures r[i] == s[i]
    {
    }
  }

  /** s back to front. */
  function Reversed<T>(s: seq<T>): (r: seq<T>)
    ensures |r| == |s|
    ensures forall i :: 0 <= i < |s| ==> r[i] == s[|s| - 1 - i]
  {
    if s == [] then [] else [s[|s| - 1]] + Reversed(s[..|s| - 1])
  }

  /** Reversing twice gives the sequence back. */
  lemma ReversedTwice<T>(s: seq<T>)
    ensures Reversed(Reversed(s)) == s
  {
    var r := Reversed(Reversed(s));
    forall i | 0 <= i < |s|
      ensures r[i] == s[i]
    {
    }
  }

  /** The prefix of length i + 1 is the prefix of length i and s[i]. */
  lemma TakeNext<T>(s: seq<T>, i: int)
    requires 0 <= i < |s|
    ensures s[..i + 1] == s[..i] + [s[i]]
    ensures s[..i + 1][..i] == s[..i]
  {
  }
}
