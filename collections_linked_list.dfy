/** LinkedList of collections/linked_list.go. The list is modelled by the
    sequence of values met when following Next from Head to Tail; the
    ListNode objects and their Prev links are not represented (a position
    in `values` stands for the node at that position, and position
    |values| for a nil node). Values are integers, one instance of the
    source's `any` type parameter. */
module CollectionsLinkedList {
  import opened SeqUtil
  import opened Wrappers
  import Fmt

  /** Insert's error for a walk that met nil after max + 1 steps. */
  function InsertPastEnd(index: int, max: int): string
  {
    "unable to add item at index " + Fmt.IntString(index) + ". max is " + Fmt.IntString(max)
  }

  /** GetValueAt's error for a walk that met nil after max + 1 steps. */
  function GetPastEnd(index: int, max: int): string
  {
    "unable to get item at index " + Fmt.IntString(index) + ". max is " + Fmt.IntString(max)
  }

  class LinkedList {
    /** The values from Head to Tail. */
    var values: seq<int>

    /** NewLinkedList: Head and Tail are nil. */
    constructor ()
      ensures values == []
    {
      values := [];
    }

    /** The value held by Head, if any. */
    function Head(): (h: int)
      requires values != []
      reads this
      ensures h == values[0]
    {
      values[0]
    }

    /** The value held by Tail, if any. */
    function Tail(): (t: int)
      requires values != []
      reads this
      ensures t == values[|values| - 1]
    {
      values[|values| - 1]
    }

    /** Add: the value becomes the new Head in front of the old list; on an
        empty list it is also the Tail. */
    method Add(value: int)
      modifies this
      ensures values == [value] + old(values)
      ensures Head() == value
      ensures old(values) != [] ==> Tail() == old(Tail())
    {
      values := [value] + values;
    }

    /** Append: an empty list takes the Add path; otherwise the value
        becomes the new Tail after the old one. */
    method Append(value: int)
      modifies this
      ensures values == old(values) + [value]
      ensures Tail() == value
      ensures old(values) != [] ==> Head() == old(Head())
    {
      if values == [] {
        Add(value);
      } else {
        values := values + [value];
      }
    }

    /** Insert: a negative index is an error; index 0 is Add; otherwise
        the walk moves index - 1 steps along Next from Head and fails when
        it reaches nil, which for an index past the end happens with the
        step counter at length - 1, the number the message reports; a
        failed call leaves the list as it was. A positive index on an empty
        list dereferences a nil Head in the source, hence the precondition. */
    method Insert(value: int, index: int) returns (err: Option<string>)
      requires index < 1 || values != []
      modifies this
      ensures err == None <==> 0 <= index <= |old(values)|
      ensures err == None ==> values == InsertAt(old(values), index, value)
      ensures index < 0 ==> err == Some("unable to insert to negative index")
      ensures index > |old(values)| ==> err == Some(InsertPastEnd(index, |old(values)| - 1))
      ensures err != None ==> values == old(values)
    {
      if index < 0 {
        return Some("unable to insert to negative index");
      }
      if index == 0 {
        Add(value);
        return None;
      }
      // current is the position of the node the walk stands on; position
      // |values| is nil
      var current := 0;
      var i := 0;
      while i < index - 1
        invariant 0 <= i <= index - 1
        invariant current == i < |values|
      {
        current := current + 1;
        if current == |values| {
          return Some(InsertPastEnd(index, i));
        }
        i := i + 1;
      }
      values := InsertAt(values, current + 1, value);
      return None;
    }

    /** GetValueAt: the value at position index and no error; a negative
        index gives the zero value and an error, and so does an index past
        the last node, reported with the step counter at length - 1 as for
        Insert. Index 0 reads Head unguarded and a positive index on an
        empty list dereferences nil in the source, hence the precondition. */
    method GetValueAt(index: int) returns (value: int, err: Option<string>)
      requires index < 0 || values != []
      ensures err == None <==> 0 <= index < |values|
      ensures err == None ==> value == values[index]
      ensures index < 0 ==> value == 0 && err == Some("unable to get item at negative index")
      ensures index >= |values| ==> value == 0 && err == Some(GetPastEnd(index, |values| - 1))
    {
      if index < 0 {
        return 0, Some("unable to get item at negative index");
      }
      if index == 0 {
        return values[0], None;
      }
      var current := 0;
      var i := 0;
      while i < index
        invariant 0 <= i <= index
        invariant current == i < |values|
      {
        current := current + 1;
        if current == |values| {
          return 0, Some(GetPastEnd(index, i));
        }
        i := i + 1;
      }
      return values[current], None;
    }
  }
}
