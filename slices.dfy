/** Set difference and intersection of slices (util.rs, module `slice`).
    Both keep the order of `xs` and its duplicates; membership in `ys` is
    decided by equality. The specification functions `Without` and `Common`
    filter `xs` element by element; the methods `Diff` and `Intersect` run the
    nested search loops and are proved to build exactly those sequences. */
module Slices {

  /** The elements of `xs` that occur nowhere in `ys`, in the order of `xs`. */
  function Without<T(==)>(xs: seq<T>, ys: seq<T>): (r: seq<T>)
    ensures |r| <= |xs|
  {
    if |xs| == 0 then []
    else Without(xs[..|xs| - 1], ys) + (if xs[|xs| - 1] in ys then [] else [xs[|xs| - 1]])
  }

  /** The elements of `xs` that also occur in `ys`, in the order of `xs`. */
  function Common<T(==)>(xs: seq<T>, ys: seq<T>): (r: seq<T>)
    ensures |r| <= |xs|
  {
    if |xs| == 0 then []
    else Common(xs[..|xs| - 1], ys) + (if xs[|xs| - 1] in ys then [xs[|xs| - 1]] else [])
  }

  /** `diff`: for each x of `xs`, scan `ys` for an equal element; x is kept
      when the scan finds none. */
  method Diff<T(==)>(xs: seq<T>, ys: seq<T>) returns (result: seq<T>)
    ensures result == Without(xs, ys)
  {
    result := [];
    for i := 0 to |xs|
      invariant result == Without(xs[..i], ys)
    {
      var found := false;
      for j := 0 to |ys|
        invariant found <==> xs[i] in ys[..j]
      {
        if xs[i] == ys[j] {
          found := true;
          break;
        }
      }
      assert found <==> xs[i] in ys;
      assert xs[..i + 1][..i] == xs[..i];
      if !found {
        result := result + [xs[i]];
      }
    }
    assert xs[..|xs|] == xs;
  }

  /** `intersect`: for each x of `xs`, scan `ys` for an equal element; x is
      kept at the first match. */
  method Intersect<T(==)>(xs: seq<T>, ys: seq<T>) returns (result: seq<T>)
    ensures result == Common(xs, ys)
  {
    result := [];
    for i := 0 to |xs|
      invariant result == Common(xs[..i], ys)
    {
      assert xs[..i + 1][..i] == xs[..i];
      for j := 0 to |ys|
        invariant xs[i] !in ys[..j]
      {
        if xs[i] == ys[j] {
          result := result + [xs[i]];
          break;
        }
      }
    }
    assert xs[..|xs|] == xs;
  }

  // ----- Properties -----

  /** An element is in the difference exactly when it is in `xs` and not in
      `ys`, and in the intersection exactly when it is in both. */
  lemma {:induction false} FiltersMembership<T>(xs: seq<T>, ys: seq<T>, x: T)
    ensures x in Without(xs, ys) <==> x in xs && x !in ys
    ensures x in Common(xs, ys) <==> x in xs && x in ys
  {
    if |xs| != 0 {
      FiltersMembership(xs[..|xs| - 1], ys, x);
      assert xs == xs[..|xs| - 1] + [xs[|xs| - 1]];
    }
  }

  /** Both filters distribute over concatenation, so each keeps the relative
      order of the elements of `xs`. */
  lemma {:induction false} FiltersDistribute<T>(a: seq<T>, b: seq<T>, ys: seq<T>)
    ensures Without(a + b, ys) == Without(a, ys) + Without(b, ys)
    ensures Common(a + b, ys) == Common(a, ys) + Common(b, ys)
    decreases |b|
  {
    if |b| == 0 {
      assert a + b == a;
    } else {
      var b' := b[..|b| - 1];
      var last := b[|b| - 1];
      assert (a + b)[..|a + b| - 1] == a + b';
      assert (a + b)[|a + b| - 1] == last;
      FiltersDistribute(a, b', ys);
    }
  }

  /** Difference and intersection split `xs`: every element goes to exactly
      one of them, duplicates included. */
  lemma {:induction false} FiltersPartition<T>(xs: seq<T>, ys: seq<T>)
    ensures multiset(Without(xs, ys)) + multiset(Common(xs, ys)) == multiset(xs)
  {
    if |xs| != 0 {
      var init, last := xs[..|xs| - 1], xs[|xs| - 1];
      FiltersPartition(init, ys);
      assert xs == init + [last];
      var w, c := Without(xs, ys), Common(xs, ys);
      assert multiset(w) + multiset(c) == multiset(Without(init, ys)) + multiset(Common(init, ys)) + multiset{last} by {
        if last in ys {
          assert w == Without(init, ys) && c == Common(init, ys) + [last];
        } else {
          assert w == Without(init, ys) + [last] && c == Common(init, ys);
        }
      }
    }
  }

  /** Together the difference and the intersection are exactly as long as `xs`. */
  lemma FiltersSizes<T>(xs: seq<T>, ys: seq<T>)
    ensures |Without(xs, ys)| + |Common(xs, ys)| == |xs|
  {
    FiltersPartition(xs, ys);
    assert |multiset(Without(xs, ys)) + multiset(Common(xs, ys))| == |multiset(xs)|;
  }

  /** Against an empty `ys` the difference is all of `xs` and the intersection
      is empty. */
  lemma {:induction false} FiltersEmptyOther<T>(xs: seq<T>)
    ensures Without(xs, []) == xs
    ensures Common(xs, []) == []
  {
    if |xs| != 0 {
      FiltersEmptyOther(xs[..|xs| - 1]);
      assert xs == xs[..|xs| - 1] + [xs[|xs| - 1]];
    }
  }

  /** The assertion of the `intersection` test. */
  lemma IntersectionTest()
    ensures Common([1, 2, 3, 4, 5], [2, 1, 9, 3, 7]) == [1, 2, 3]
  {
    var ys := [2, 1, 9, 3, 7];
    assert Common([1, 2, 3], ys) == [1, 2, 3] by {
      assert [1, 2, 3][..2] == [1, 2] && [1, 2][..1] == [1] && [1][..0] == [];
      assert 1 in ys && 2 in ys && 3 in ys;
    }
    assert Common([1, 2, 3, 4, 5], ys) == [1, 2, 3] by {
      assert [1, 2, 3, 4, 5][..4] == [1, 2, 3, 4] && [1, 2, 3, 4][..3] == [1, 2, 3];
      assert 4 !in ys && 5 !in ys;
    }
  }

  /** The assertion of the `difference` test. */
  lemma DifferenceTest()
    ensures Without([1, 2, 3, 4, 5], [2, 1, 9, 3, 7]) == [4, 5]
  {
    var ys := [2, 1, 9, 3, 7];
    assert Without([1, 2, 3], ys) == [] by {
      assert [1, 2, 3][..2] == [1, 2] && [1, 2][..1] == [1] && [1][..0] == [];
      assert 1 in ys && 2 in ys && 3 in ys;
    }
    assert Without([1, 2, 3, 4, 5], ys) == [4, 5] by {
      assert [1, 2, 3, 4, 5][..4] == [1, 2, 3, 4] && [1, 2, 3, 4][..3] == [1, 2, 3];
      assert 4 !in ys && 5 !in ys;
    }
  }
}
