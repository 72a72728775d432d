/** List of collections/list.go: a general-purpose list backed by a Go
    slice. The element type is instantiated at int (any cmp.Ordered type
    would do). */
module CollectionsList {
  import opened SeqUtil
  import opened Wrappers
  import Fmt
  import Sorting

  /** The error for an index at or past the end of a list of the given
      length. */
  function OutOfBounds(index: int, length: int): string
  {
    "index " + Fmt.IntString(index) + " out of bounds, list length " + Fmt.IntString(length)
  }

  /** The error for a negative index. */
  const NegativeIndex := "negative index not possible"

  /** The natural order of the element type, used by Sort. */
  function Le(a: int, b: int): bool { a <= b }

  /** The elements of s for which keep holds, in their order in s. */
  function Filtered(s: seq<int>, keep: int -> bool): (r: seq<int>)
    ensures |r| <= |s|
    ensures forall x :: x in r <==> x in s && keep(x)
  {
    if s == [] then []
    else Filtered(s[..|s| - 1], keep) + (if keep(s[|s| - 1]) then [s[|s| - 1]] else [])
  }

  /** Filtering keeps the order: a sequence whose elements all pass comes
      back whole, and one whose elements all fail comes back empty. */
  lemma {:induction false} FilteredAll(s: seq<int>, keep: int -> bool)
    ensures (forall x :: x in s ==> keep(x)) ==> Filtered(s, keep) == s
    ensures (forall x :: x in s ==> !keep(x)) ==> Filtered(s, keep) == []
  {
    if s != [] {
      var front := s[..|s| - 1];
      FilteredAll(front, keep);
      assert s == front + [s[|s| - 1]];
      if forall x :: x in s ==> keep(x) {
        assert forall x :: x in front ==> keep(x);
        assert keep(s[|s| - 1]);
      }
      if forall x :: x in s ==> !keep(x) {
        assert forall x :: x in front ==> !keep(x);
        assert !keep(s[|s| - 1]);
      }
    }
  }

  /** f applied to each element of s, in order. */
  function Mapped(s: seq<int>, f: int -> int): (r: seq<int>)
    ensures |r| == |s|
    ensures forall i :: 0 <= i < |s| ==> r[i] == f(s[i])
  {
    if s == [] then [] else Mapped(s[..|s| - 1], f) + [f(s[|s| - 1])]
  }

  class List {
    var arr: seq<int>

    /** NewList: an empty list. */
    constructor ()
      ensures arr == []
    {
      arr := [];
    }

    /** Append: the value goes at the end. */
    method Append(value: int)
      modifies this
      ensures arr == old(arr) + [value]
    {
      arr := arr + [value];
    }

    /** Prepend: the value goes at the front. */
    method Prepend(value: int)
      modifies this
      ensures arr == [value] + old(arr)
    {
      arr := [value] + arr;
    }

    /** Get: the value at index and no error; an index at or past the
        end, and a negative one, give the zero value and an error, each
        with its own message. */
    function Get(index: int): (r: (int, Option<string>))
      reads this
      ensures r.1 == None <==> 0 <= index < |arr|
      ensures r.1 == None ==> r.0 == arr[index]
      ensures index >= |arr| ==> r == (0, Some(OutOfBounds(index, |arr|)))
      ensures index < 0 ==> r == (0, Some(NegativeIndex))
    {
      if index >= |arr| then (0, Some(OutOfBounds(index, |arr|)))
      else if index < 0 then (0, Some(NegativeIndex))
      else (arr[index], None)
    }

    /** GetFirst: the first element; it panics on an empty list. */
    function GetFirst(): (v: int)
      requires arr != []
      reads this
      ensures Get(0) == (v, None)
    {
      arr[0]
    }

    /** GetLast: the last element; it panics on an empty list. */
    function GetLast(): (v: int)
      requires arr != []
      reads this
      ensures Get(|arr| - 1) == (v, None)
    {
      arr[|arr| - 1]
    }

    /** Remove: in range, the value at index is returned and deleted and
        the rest keeps its order; out of range, the zero value and the
        error Get gives, with the list unchanged. */
    method Remove(index: int) returns (value: int, err: Option<string>)
      modifies this
      ensures err == None <==> 0 <= index < |old(arr)|
      ensures err == None ==> value == old(arr)[index] && arr == RemoveAt(old(arr), index)
      ensures err == None ==> multiset(arr) == multiset(old(arr)) - multiset{value}
      ensures index >= |old(arr)| ==> value == 0 && err == Some(OutOfBounds(index, |old(arr)|))
      ensures index < 0 ==> value == 0 && err == Some(NegativeIndex)
      ensures err != None ==> arr == old(arr)
    {
      if index >= |arr| {
        return 0, Some(OutOfBounds(index, |arr|));
      }
      if index < 0 {
        return 0, Some(NegativeIndex);
      }
      value := arr[index];
      RemoveAtMultiset(arr, index);
      arr := RemoveAt(arr, index);
      err := None;
    }

    /** RemoveFirst: returns and drops the first element; it panics on an
        empty list. */
    method RemoveFirst() returns (value: int)
      requires arr != []
      modifies this
      ensures [value] + arr == old(arr)
    {
      value := arr[0];
      arr := arr[1..];
    }

    /** RemoveLast: returns and drops the last element; it panics on an
        empty list. */
    method RemoveLast() returns (value: int)
      requires arr != []
      modifies this
      ensures arr + [value] == old(arr)
    {
      var i := |arr| - 1;
      value := arr[i];
      arr := arr[..i];
    }

    /** Insert: only an index of an existing element is accepted, so the
        value cannot be inserted at the end; it lands at index and later
        elements move up by one. A rejected call returns the error Get
        gives and changes nothing. */
    method Insert(index: int, value: int) returns (err: Option<string>)
      modifies this
      ensures err == None <==> 0 <= index < |old(arr)|
      ensures err == None ==> arr == InsertAt(old(arr), index, value)
      ensures index >= |old(arr)| ==> err == Some(OutOfBounds(index, |old(arr)|))
      ensures index < 0 ==> err == Some(NegativeIndex)
      ensures err != None ==> arr == old(arr)
    {
      if index >= |arr| {
        return Some(OutOfBounds(index, |arr|));
      }
      if index < 0 {
        return Some(NegativeIndex);
      }
      arr := InsertAt(arr, index, value);
      err := None;
    }

    /** Length: the number of elements. */
    function Length(): (n: nat)
      reads this
      ensures n == |arr|
    {
      |arr|
    }

    /** Contains: whether value occurs in the list. */
    function Contains(value: int): (b: bool)
      reads this
      ensures b <==> exists i :: 0 <= i < |arr| && arr[i] == value
    {
      value in arr
    }

    /** IndexOf: the first index holding value, or -1 when there is none;
        it is non-negative exactly when Contains holds. */
    method IndexOf(value: int) returns (index: int)
      ensures -1 <= index < |arr|
      ensures index >= 0 ==> arr[index] == value
      ensures forall j :: 0 <= j < |arr| && (index < 0 || j < index) ==> arr[j] != value
      ensures index >= 0 <==> Contains(value)
    {
      var i := 0;
      while i < |arr|
        invariant 0 <= i <= |arr|
        invariant forall j :: 0 <= j < i ==> arr[j] != value
      {
        if arr[i] == value {
          return i;
        }
        i := i + 1;
      }
      return -1;
    }

    /** Reverse: the elements in the opposite order. */
    method Reverse()
      modifies this
      ensures arr == Reversed(old(arr))
    {
      arr := Reversed(arr);
    }

    /** Sort: the elements in ascending order, as a permutation of the old
        ones. */
    method Sort()
      modifies this
      ensures Sorting.SortedBy(arr, Le)
      ensures multiset(arr) == multiset(old(arr))
    {
      Sorting.SortBySorted(arr, Le);
      arr := Sorting.SortBy(arr, Le);
    }

    /** Filter: a new list with the elements that pass, in order; the
        receiver is untouched. */
    method Filter(keep: int -> bool) returns (ret: List)
      ensures fresh(ret)
      ensures ret.arr == Filtered(arr, keep)
    {
      ret := new List();
      var i := 0;
      while i < |arr|
        invariant 0 <= i <= |arr|
        invariant ret.arr == Filtered(arr[..i], keep)
      {
        assert arr[..i + 1][..i] == arr[..i];
        if keep(arr[i]) {
          ret.Append(arr[i]);
        }
        i := i + 1;
      }
      assert arr[..i] == arr;
    }

    /** Map: a new list of the same length with f applied to each element;
        the receiver is untouched. */
    method Map(f: int -> int) returns (ret: List)
      ensures fresh(ret)
      ensures ret.arr == Mapped(arr, f)
    {
      ret := new List();
      var i := 0;
      while i < |arr|
        invariant 0 <= i <= |arr|
        invariant ret.arr == Mapped(arr[..i], f)
      {
        assert arr[..i + 1][..i] == arr[..i];
        ret.Append(f(arr[i]));
        i := i + 1;
      }
      assert arr[..i] == arr;
    }

    /** Slice: a copy of the elements; being a value, it is unaffected by
        later changes to the list. */
    function Slice(): (r: seq<int>)
      reads this
      ensures |r| == Length() && forall i :: 0 <= i < |r| ==> Get(i) == (r[i], None)
    {
      arr
    }

    /** Clear: no elements remain. */
    method Clear()
      modifies this
      ensures arr == [] && Length() == 0
    {
      arr := [];
    }
  }

  /** Sorting twice changes nothing: a sorted permutation of a sorted list
      is that list. */
  lemma SortIdempotent(s: seq<int>)
    ensures Sorting.SortBy(Sorting.SortBy(s, Le), Le) == Sorting.SortBy(s, Le)
  {
    var r := Sorting.SortBy(s, Le);
    Sorting.SortBySorted(s, Le);
    Sorting.SortBySorted(r, Le);
    Sorting.SortedUnique(Sorting.SortBy(r, Le), r, Le);
  }
}
