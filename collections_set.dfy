/** Set of collections/set.go: a Go map from item to bool in which Add
    stores true. Items are integers, one instance of `comparable`. */
module CollectionsSet {

  /** No item occurs twice in s. */
  predicate NoDuplicates(s: seq<int>) {
    forall i, j :: 0 <= i < j < |s| ==> s[i] != s[j]
  }

  /** A set other than the empty one has a member. */
  lemma NonEmptyHasMember(s: set<int>)
    requires s != {}
    ensures exists x :: x in s
  {
    if forall x :: x !in s {
      assert false;
    }
  }

  class Set {
    var m: map<int, bool>

    /** Every stored flag is true: only Add stores into the map. */
    ghost predicate Valid()
      reads this
    {
      forall k :: k in m ==> m[k]
    }

    /** NewSet: an empty set. */
    constructor ()
      ensures Valid() && m == map[]
    {
      m := map[];
    }

    /** Add: the item becomes a member; adding a member again leaves the
        size as it was, and no other membership changes. */
    method Add(item: int)
      requires Valid()
      modifies this
      ensures Valid() && m == old(m)[item := true]
      ensures Has(item)
      ensures forall x :: x != item ==> (Has(x) <==> old(Has(x)))
      ensures Size() == if old(Has(item)) then old(Size()) else old(Size()) + 1
    {
      m := m[item := true];
    }

    /** Delete: the item is no longer a member, and no other membership
        changes. */
    method Delete(item: int)
      requires Valid()
      modifies this
      ensures Valid() && m == old(m) - {item}
      ensures !Has(item)
      ensures forall x :: x != item ==> (Has(x) <==> old(Has(x)))
      ensures Size() == if old(Has(item)) then old(Size()) - 1 else old(Size())
    {
      m := m - {item};
    }

    /** Has: the stored flag, false for an absent item. */
    function Has(item: int): (b: bool)
      reads this
      ensures Valid() ==> (b <==> item in m)
    {
      item in m && m[item]
    }

    /** Items: every member exactly once, in an order the map iteration
        chooses; its length is the size. */
    method Items() returns (keys: seq<int>)
      requires Valid()
      ensures forall x :: x in keys <==> Has(x)
      ensures NoDuplicates(keys)
      ensures |keys| == Size()
    {
      keys := [];
      var rest := m.Keys;
      while rest != {}
        invariant rest <= m.Keys
        invariant forall x :: x in keys <==> x in m.Keys - rest
        invariant NoDuplicates(keys)
        invariant |keys| + |rest| == |m.Keys|
        decreases rest
      {
        NonEmptyHasMember(rest);
        var k :| k in rest;
        assert k !in keys;
        assert forall i :: 0 <= i < |keys| ==> keys[i] != k;
        keys := keys + [k];
        rest := rest - {k};
      }
    }

    /** Size: the number of entries in the map. */
    function Size(): (n: nat)
      reads this
      ensures n == |m.Keys|
    {
      |m|
    }

    /** HasItems is the negation of IsEmpty. */
    function HasItems(): (b: bool)
      reads this
      ensures b <==> !IsEmpty()
    {
      |m| > 0
    }

    /** IsEmpty holds iff the size is 0, that is iff nothing is a member. */
    function IsEmpty(): (b: bool)
      reads this
      ensures b <==> Size() == 0
    {
      |m| == 0
    }

    /** A valid set is empty exactly when nothing is a member. */
    lemma EmptyIffNoMembers()
      requires Valid()
      ensures IsEmpty() <==> forall x :: !Has(x)
    {
      if !IsEmpty() {
        NonEmptyHasMember(m.Keys);
        var k :| k in m.Keys;
        assert Has(k);
      }
    }
  }
}
