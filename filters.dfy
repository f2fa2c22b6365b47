/** The naive Bayesian filter (filters.rs): folds a non-empty sequence of
    class-to-probability distributions into one posterior. Each step
    multiplies the new observation pointwise with the running posterior and
    rescales by the normalizing constant Z, the sum of those products. A
    `HashMap` becomes a `map`; sums over its keys do not depend on the
    iteration order over the reals. */
module Filters {
  import opened RealArithmetic

  // ----- Sums over the values of a map -----

  /** The sum of the values of m. */
  ghost function Total<K>(m: map<K, real>): real
    decreases |m|
  {
    if |m| == 0 then 0.0
    else
      var k :| k in m;
      m[k] + Total(m - {k})
  }

  /** The key `Total` splits off first, with the split it makes there. */
  lemma TotalPick<K>(m: map<K, real>) returns (j: K)
    requires |m| != 0
    ensures j in m && Total(m) == m[j] + Total(m - {j})
  {
    j :| j in m && Total(m) == m[j] + Total(m - {j});
  }

  /** The sum may be split at any key, not only at the one `Total` picks. */
  lemma {:induction false} TotalRemove<K>(m: map<K, real>, k: K)
    requires k in m
    ensures Total(m) == m[k] + Total(m - {k})
    decreases |m|
  {
    var j := TotalPick(m);
    if j != k {
      var mj := m - {j};
      var mk := m - {k};
      assert mj - {k} == mk - {j};
      TotalRemove(mj, k);
      TotalRemove(mk, j);
    }
  }

  /** Pointwise product n[k] * acc[k] over the keys of n. */
  function Products<K>(acc: map<K, real>, n: map<K, real>): (p: map<K, real>)
    requires n.Keys <= acc.Keys
    ensures p.Keys == n.Keys
    ensures forall k :: k in p ==> p[k] == n[k] * acc[k]
  {
    map k | k in n :: n[k] * acc[k]
  }

  /** The normalizing constant Z of one step: the sum, over the keys of the
      new observation n, of n[k] * acc[k]. */
  ghost function Normalizer<K>(acc: map<K, real>, n: map<K, real>): real
    requires n.Keys <= acc.Keys
  {
    Total(Products(acc, n))
  }

  /** Every value of m divided by c. */
  function Scale<K>(m: map<K, real>, c: real): (s: map<K, real>)
    requires c != 0.0
    ensures s.Keys == m.Keys
    ensures forall k :: k in s ==> s[k] == m[k] / c
  {
    map k | k in m :: m[k] / c
  }

  /** Removing a key commutes with scaling. */
  lemma ScaleRemove<K>(m: map<K, real>, c: real, k: K)
    requires c != 0.0
    ensures Scale(m, c) - {k} == Scale(m - {k}, c)
  {
    var before, after := Scale(m, c) - {k}, Scale(m - {k}, c);
    assert before.Keys == after.Keys;
    forall j | j in before
      ensures before[j] == after[j]
    {
    }
  }

  /** Dividing every value by c divides the sum by c. */
  lemma {:induction false} TotalScale<K>(m: map<K, real>, c: real)
    requires c != 0.0
    ensures Total(Scale(m, c)) == Total(m) / c
    decreases |m|
  {
    if |m| == 0 {
      TotalScaleEmpty(m, c);
    } else {
      var k :| k in m;
      TotalScale(m - {k}, c);
      TotalScaleStep(m, c, k);
    }
  }

  /** The base case of `TotalScale`: both sums are zero. */
  lemma TotalScaleEmpty<K>(m: map<K, real>, c: real)
    requires c != 0.0 && |m| == 0
    ensures Total(Scale(m, c)) == Total(m) / c
  {
    assert |Scale(m, c)| == 0;
    assert Total(m) == 0.0 && Total(Scale(m, c)) == 0.0;
  }

  /** The inductive step of `TotalScale`: if scaling divides the sum of
      m - {k} by c, it divides the sum of m by c. */
  lemma TotalScaleStep<K>(m: map<K, real>, c: real, k: K)
    requires c != 0.0 && k in m
    requires Total(Scale(m - {k}, c)) == Total(m - {k}) / c
    ensures Total(Scale(m, c)) == Total(m) / c
  {
    ScaledTotalRemove(m, c, k);
    TotalRemove(m, k);
    ScaleStepArithmetic(Total(Scale(m, c)), Total(Scale(m - {k}, c)), Total(m), m[k], Total(m - {k}), c);
  }

  /** The arithmetic of the inductive step: if s = a/c + s' with s' = t/c and
      total = a + t, then s = total/c. */
  lemma ScaleStepArithmetic(s: real, s': real, total: real, a: real, t: real, c: real)
    requires c != 0.0
    requires s == a / c + s' && s' == t / c && total == a + t
    ensures s == total / c
  {
    DivSum(a, t, c);
  }

  /** Splitting the scaled sum at key k. */
  lemma ScaledTotalRemove<K>(m: map<K, real>, c: real, k: K)
    requires c != 0.0 && k in m
    ensures Total(Scale(m, c)) == m[k] / c + Total(Scale(m - {k}, c))
  {
    var s := Scale(m, c);
    TotalRemove(s, k);
    ScaleRemove(m, c, k);
  }

  /** Removing a key from n removes it from the products. */
  lemma ProductsRemove<K>(acc: map<K, real>, n: map<K, real>, k: K)
    requires n.Keys <= acc.Keys
    ensures Products(acc, n) - {k} == Products(acc, n - {k})
  {
    var before, after := Products(acc, n) - {k}, Products(acc, n - {k});
    assert before.Keys == after.Keys;
    forall j | j in before
      ensures before[j] == after[j]
    {
    }
  }

  // ----- One step of the fold -----

  /** The normalizing-constant loop of a step: accumulates n[k] * acc[k]
      over the keys of n, in whatever order they are picked. */
  method NormalizingConstant<K>(acc: map<K, real>, n: map<K, real>) returns (z: real)
    requires n.Keys <= acc.Keys
    ensures z == Normalizer(acc, n)
  {
    z := 0.0;
    var remaining := n;
    while remaining != map[]
      invariant remaining.Keys <= acc.Keys
      invariant z + Normalizer(acc, remaining) == Normalizer(acc, n)
      decreases |remaining|
    {
      var k :| k in remaining;
      TotalRemove(Products(acc, remaining), k);
      ProductsRemove(acc, remaining, k);
      z := z + remaining[k] * acc[k];
      remaining := remaining - {k};
    }
    assert Products(acc, remaining) == map[];
  }

  /** The posterior of one step: every key k of n maps to
      n[k] * acc[k] / Z, so the values sum to one. */
  ghost function Posterior<K>(acc: map<K, real>, n: map<K, real>): (post: map<K, real>)
    requires n.Keys <= acc.Keys && Normalizer(acc, n) != 0.0
    ensures post.Keys == n.Keys
    ensures forall k :: k in post ==> post[k] == n[k] * acc[k] / Normalizer(acc, n)
    ensures Total(post) == 1.0
  {
    var z := Normalizer(acc, n);
    TotalScale(Products(acc, n), z);
    DivSelf(z);
    Scale(Products(acc, n), z)
  }

  /** One step of the fold: computes Z with the loop, then the posterior. */
  method UpdateStep<K>(acc: map<K, real>, n: map<K, real>) returns (post: map<K, real>)
    requires n.Keys <= acc.Keys && Normalizer(acc, n) != 0.0
    ensures post == Posterior(acc, n)
  {
    var z := NormalizingConstant(acc, n);
    post := map k | k in n :: n[k] * acc[k] / z;
    assert post == Scale(Products(acc, n), z);
  }

  // ----- The fold -----

  /** The observations in `rest` can be folded into `acc`: each one's keys are
      present in the running posterior (an absent key would make the lookup
      `acc[k]` panic) and each step's normalizing constant is non-zero. */
  ghost predicate Foldable<K>(acc: map<K, real>, rest: seq<map<K, real>>)
    decreases |rest|
  {
    rest == [] ||
    (rest[0].Keys <= acc.Keys && Normalizer(acc, rest[0]) != 0.0 &&
     Foldable(Posterior(acc, rest[0]), rest[1..]))
  }

  /** Folds the observations in `rest`, in order, into the running posterior. */
  ghost function Fold<K>(acc: map<K, real>, rest: seq<map<K, real>>): map<K, real>
    requires Foldable(acc, rest)
    decreases |rest|
  {
    if rest == [] then acc else Fold(Posterior(acc, rest[0]), rest[1..])
  }

  /** What the filter computes: the first observation is the prior and every
      later one is folded into it. */
  ghost function Combine<K>(observations: seq<map<K, real>>): map<K, real>
    requires |observations| > 0 && Foldable(observations[0], observations[1..])
  {
    Fold(observations[0], observations[1..])
  }

  /** The filter. A single observation is returned as it is; otherwise the
      first observation is the prior and each later one is folded in with
      `UpdateStep`. */
  method Bayesian<K>(observations: seq<map<K, real>>) returns (result: map<K, real>)
    requires |observations| > 0
    requires Foldable(observations[0], observations[1..])
    ensures result == Combine(observations)
    ensures |observations| == 1 ==> result == observations[0]
  {
    if |observations| == 1 {
      return observations[0];
    }
    result := observations[0];
    var i := 1;
    while i < |observations|
      invariant 1 <= i <= |observations|
      invariant Foldable(result, observations[i..])
      invariant Fold(result, observations[i..]) == Combine(observations)
    {
      assert observations[i..][1..] == observations[i + 1..];
      result := UpdateStep(result, observations[i]);
      i := i + 1;
    }
    assert observations[i..] == [];
  }

  // ----- Properties -----

  /** Folding at least one observation leaves exactly the keys of the last
      observation, and values that sum to one. */
  lemma {:induction false} FoldLast<K>(acc: map<K, real>, rest: seq<map<K, real>>)
    requires |rest| > 0 && Foldable(acc, rest)
    ensures Fold(acc, rest).Keys == rest[|rest| - 1].Keys
    ensures Total(Fold(acc, rest)) == 1.0
    decreases |rest|
  {
    if |rest| > 1 {
      FoldLast(Posterior(acc, rest[0]), rest[1..]);
    }
  }

  /** With two or more observations, the result has the keys of the last
      observation and its values sum to one. */
  lemma CombineIsDistribution<K>(observations: seq<map<K, real>>)
    requires |observations| > 1 && Foldable(observations[0], observations[1..])
    ensures Combine(observations).Keys == observations[|observations| - 1].Keys
    ensures Total(Combine(observations)) == 1.0
  {
    FoldLast(observations[0], observations[1..]);
  }

  /** The sum over a two-class distribution. */
  lemma TotalOfTwo(m: map<bool, real>)
    requires m.Keys == {true, false}
    ensures Total(m) == m[true] + m[false]
  {
    TotalRemove(m, true);
    var rest := m - {true};
    assert rest.Keys == {false};
    TotalRemove(rest, false);
    assert rest - {false} == map[];
  }

  /** The normalizing constant over two classes. */
  lemma NormalizerOfTwo(acc: map<bool, real>, n: map<bool, real>)
    requires n.Keys == {true, false} && n.Keys <= acc.Keys
    ensures Normalizer(acc, n) == Products(acc, n)[true] + Products(acc, n)[false]
  {
    TotalOfTwo(Products(acc, n));
  }

  /** The observation of the filter's tests, repeated three times there. */
  const Observation: map<bool, real> := map[true := 0.4, false := 0.6]

  /** The posterior after folding `Observation` into itself once. */
  const FirstPosterior: map<bool, real> := map[true := 4.0 / 13.0, false := 9.0 / 13.0]

  /** The posterior after folding `Observation` in a second time. */
  const SecondPosterior: map<bool, real> := map[true := 8.0 / 35.0, false := 27.0 / 35.0]

  /** The first step of the three-observation test: Z = 0.52 and the
      posterior is {true: 4/13, false: 9/13}. */
  lemma FirstStep()
    ensures Normalizer(Observation, Observation) == 0.52
    ensures Posterior(Observation, Observation) == FirstPosterior
  {
    var o := Observation;
    NormalizerOfTwo(o, o);
    var post := Posterior(o, o);
    assert post[true] == 0.16 / 0.52;
    assert post[false] == 0.36 / 0.52;
  }

  /** The second step of the three-observation test: Z = 7/13 and the
      posterior is {true: 8/35, false: 27/35}. */
  lemma SecondStep()
    ensures Normalizer(FirstPosterior, Observation) == 7.0 / 13.0
    ensures Posterior(FirstPosterior, Observation) == SecondPosterior
  {
    var o, p1 := Observation, FirstPosterior;
    NormalizerOfTwo(p1, o);
    var post := Posterior(p1, o);
    assert post[true] == (0.4 * (4.0 / 13.0)) / (7.0 / 13.0);
    assert post[false] == (0.6 * (9.0 / 13.0)) / (7.0 / 13.0);
  }

  /** The filter's own test: three observations of {true: 0.4, false: 0.6}
      give false the posterior 27/35 (about 0.7714) and true 8/35, so false
      is the more probable class. */
  lemma ThreeObservations()
    ensures var o := Observation;
      Foldable(o, [o, o]) && Combine([o, o, o]) == SecondPosterior
  {
    var o, p1, p2 := Observation, FirstPosterior, SecondPosterior;
    FirstStep();
    SecondStep();
    var none: seq<map<bool, real>> := [];
    assert [o, o][1..] == [o];
    assert [o][1..] == none;
    assert Foldable(p1, [o]);
    assert Foldable(o, [o, o]);
    assert Fold(p1, [o]) == p2;
    assert Fold(o, [o, o]) == p2;
    assert [o, o, o][1..] == [o, o];
  }
}
