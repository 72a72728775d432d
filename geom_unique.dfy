/** De-duplication by a caller's equality, as the geometry lists do it:
    PointList.Unique, TriangleList.Edges and the Delaunay cavity polygon
    each walk their input in order and append an element only when no
    element already kept is Equals to it. The equality is a tolerance
    test in every caller, so nothing here relies on it being transitive. */
module GeomUnique {

  /** Some element of u is eq to x (x on the left, as the callers test). */
  predicate Matched<T>(eq: (T, T) -> bool, x: T, u: seq<T>) {
    exists k :: 0 <= k < |u| && eq(x, u[k])
  }

  /** u with x appended unless x is already matched in u. */
  function AddIfNew<T>(eq: (T, T) -> bool, u: seq<T>, x: T): seq<T> {
    if Matched(eq, x, u) then u else u + [x]
  }

  /** The elements of xs, in order, that no earlier kept element matches. */
  function UniqueBy<T>(eq: (T, T) -> bool, xs: seq<T>): seq<T> {
    if xs == [] then [] else AddIfNew(eq, UniqueBy(eq, xs[..|xs| - 1]), xs[|xs| - 1])
  }

  /** No element of the list is eq to an earlier one. */
  predicate NoneMatchEarlier<T>(eq: (T, T) -> bool, u: seq<T>) {
    forall i, j :: 0 <= i < j < |u| ==> !eq(u[j], u[i])
  }

  /** The kept elements of a prefix are a prefix of the kept elements. */
  lemma {:induction false} UniqueByPrefix<T>(eq: (T, T) -> bool, xs: seq<T>, i: int)
    requires 0 <= i <= |xs|
    ensures UniqueBy(eq, xs[..i]) <= UniqueBy(eq, xs)
    decreases |xs|
  {
    if i < |xs| {
      assert xs[..|xs| - 1][..i] == xs[..i];
      UniqueByPrefix(eq, xs[..|xs| - 1], i);
    } else {
      assert xs[..i] == xs;
    }
  }

  /** The result never holds two elements that match, every element comes
      from the input, and every input element is kept or matches a kept
      one. */
  lemma {:induction false} UniqueByProperties<T>(eq: (T, T) -> bool, xs: seq<T>)
    ensures NoneMatchEarlier(eq, UniqueBy(eq, xs))
    ensures forall y :: y in UniqueBy(eq, xs) ==> y in xs
    ensures forall i :: 0 <= i < |xs| ==> xs[i] in UniqueBy(eq, xs) || Matched(eq, xs[i], UniqueBy(eq, xs))
    ensures |UniqueBy(eq, xs)| <= |xs|
  {
    if xs != [] {
      var init, x := xs[..|xs| - 1], xs[|xs| - 1];
      UniqueByProperties(eq, init);
      var u := UniqueBy(eq, init);
      var r := UniqueBy(eq, xs);
      assert r == AddIfNew(eq, u, x);
      assert u <= r;
      forall i | 0 <= i < |xs|
        ensures xs[i] in r || Matched(eq, xs[i], r)
      {
        if i < |xs| - 1 {
          assert xs[i] == init[i];
          if !(xs[i] in u) {
            var k :| 0 <= k < |u| && eq(xs[i], u[k]);
            assert r[k] == u[k];
          }
        }
      }
    }
  }

  /** Appending one element to the input adds it to the result exactly
      when nothing kept so far matches it. */
  lemma UniqueBySnoc<T>(eq: (T, T) -> bool, xs: seq<T>, x: T)
    ensures UniqueBy(eq, xs + [x]) == AddIfNew(eq, UniqueBy(eq, xs), x)
  {
    assert (xs + [x])[..|xs|] == xs;
  }

  /** The first element is always kept. */
  lemma UniqueByFirst<T>(eq: (T, T) -> bool, xs: seq<T>)
    requires xs != []
    ensures UniqueBy(eq, xs)[0] == xs[0]
  {
    UniqueByPrefix(eq, xs, 1);
    assert xs[..1] == [xs[0]];
    assert [xs[0]][..0] == [];
  }

  /** An input with no element matching an earlier one comes back
      unchanged. */
  lemma {:induction false} UniqueByKeepsDistinct<T>(eq: (T, T) -> bool, xs: seq<T>)
    requires NoneMatchEarlier(eq, xs)
    ensures UniqueBy(eq, xs) == xs
  {
    if xs != [] {
      var init, x := xs[..|xs| - 1], xs[|xs| - 1];
      assert NoneMatchEarlier(eq, init);
      UniqueByKeepsDistinct(eq, init);
      forall k | 0 <= k < |init|
        ensures !eq(x, init[k])
      {
        assert init[k] == xs[k];
      }
      assert xs == init + [x];
    }
  }
}
