/** A degree of truth: a number meant to lie in [0, 1], with the fuzzy
    connectives, approximate equality, exact ordering and four arithmetic
    operators (degree.rs). Only `New` validates the value it wraps; `Sub` and
    `Add` test a condition before building their result, and every other
    operation builds a `Degree` directly, so a result may fall outside [0, 1]
    and `Valid` says when it does not. */
module Degrees {
  import opened Options

  datatype Degree = Degree(value: real) {
    /** The invariant `New` establishes: the value lies in [0, 1]. */
    predicate Valid() {
      0.0 <= value <= 1.0
    }
  }

  /** The tolerance of `Eq`, 1.0e-6. */
  const Epsilon: real := 0.000001

  datatype Ordering = Less | Equal | Greater

  /** The validating constructor: a degree exists for exactly the values in [0, 1]. */
  function New(v: real): (r: Option<Degree>)
    ensures r.Some? <==> 0.0 <= v <= 1.0
    ensures r.Some? ==> r.value.value == v && r.value.Valid()
  {
    if v > 1.0 then None
    else if v < 0.0 then None
    else Some(Degree(v))
  }

  /** Full truth. */
  function One(): (d: Degree)
    ensures d.Valid()
    ensures forall e: Degree :: e.Valid() ==> e.value <= d.value
  {
    Degree(1.0)
  }

  /** Full falsehood. */
  function Zero(): (d: Degree)
    ensures d.Valid()
    ensures forall e: Degree :: e.Valid() ==> d.value <= e.value
  {
    Degree(0.0)
  }

  /** Lattice conjunction: the minimum of the two operands. */
  function And(a: Degree, b: Degree): (r: Degree)
    ensures r.value <= a.value && r.value <= b.value
    ensures r.value == a.value || r.value == b.value
    ensures a.Valid() && b.Valid() ==> r.Valid()
  {
    Degree(if a.value <= b.value then a.value else b.value)
  }

  /** Lattice disjunction: the maximum of the two operands. */
  function Or(a: Degree, b: Degree): (r: Degree)
    ensures a.value <= r.value && b.value <= r.value
    ensures r.value == a.value || r.value == b.value
    ensures a.Valid() && b.Valid() ==> r.Valid()
  {
    Degree(if a.value >= b.value then a.value else b.value)
  }

  /** Probabilistic conjunction: the product. For valid operands it stays in
      [0, 1] and never exceeds the lattice conjunction. */
  function PAnd(a: Degree, b: Degree): (r: Degree)
    ensures a.Valid() && b.Valid() ==> r.Valid() && r.value <= And(a, b).value
  {
    ProductBelowAnd(a, b);
    Degree(a.value * b.value)
  }

  /** Probabilistic disjunction: a + b - a*b. For valid operands it stays in
      [0, 1] and is never below the lattice disjunction. */
  function POr(a: Degree, b: Degree): (r: Degree)
    ensures a.Valid() && b.Valid() ==> r.Valid() && Or(a, b).value <= r.value
  {
    ProbabilisticSumAboveOr(a, b);
    Degree((a.value + b.value) - (a.value * b.value))
  }

  /** Complement: 1 - a, which maps valid degrees to valid degrees. */
  function Not(a: Degree): (r: Degree)
    ensures a.Valid() <==> r.Valid()
    ensures a.value + r.value == 1.0
  {
    Degree(1.0 - a.value)
  }

  /** |x|, as `f64::abs` computes it. */
  function Abs(x: real): (r: real)
    ensures 0.0 <= r && (r == x || r == -x)
  {
    if x < 0.0 then -x else x
  }

  /** Approximate equality: the values differ by less than `Epsilon`. */
  function Eq(a: Degree, b: Degree): (r: bool)
    ensures r <==> a.value - Epsilon < b.value < a.value + Epsilon
  {
    Abs(a.value - b.value) < Epsilon
  }

  /** Exact comparison of the underlying values; over the reals (no NaN) it
      is always defined, so the result is never `None`. */
  function PartialCmp(a: Degree, b: Degree): (r: Option<Ordering>)
    ensures r.Some?
    ensures r == Some(Less) <==> a.value < b.value
    ensures r == Some(Equal) <==> a.value == b.value
    ensures r == Some(Greater) <==> a.value > b.value
  {
    if a.value < b.value then Some(Less)
    else if a.value > b.value then Some(Greater)
    else Some(Equal)
  }

  /** `a <= b` as derived from `PartialCmp`. */
  predicate Le(a: Degree, b: Degree) {
    PartialCmp(a, b) == Some(Less) || PartialCmp(a, b) == Some(Equal)
  }

  /** The `*` operator: the same product as `PAnd`, so it keeps valid degrees valid. */
  function Mul(a: Degree, b: Degree): (r: Degree)
    ensures r == PAnd(a, b)
    ensures a.Valid() && b.Valid() ==> r.Valid()
  {
    Degree(a.value * b.value)
  }

  /** The `/` operator: an unchecked quotient; the divisor must be non-zero
      because real division by zero is undefined. */
  function Div(a: Degree, b: Degree): (r: Degree)
    requires b.value != 0.0
    ensures r.value * b.value == a.value
  {
    Degree(a.value / b.value)
  }

  /** The `-` operator: `None` exactly when the difference is negative,
      otherwise the difference, which is valid whenever the operands are. */
  function Sub(a: Degree, b: Degree): (r: Option<Degree>)
    ensures r.None? <==> a.value < b.value
    ensures r.Some? ==> r.value.value + b.value == a.value
    ensures r.Some? && a.Valid() && b.Valid() ==> r.value.Valid()
  {
    if a.value - b.value < 0.0 then None
    else Some(Degree(a.value - b.value))
  }

  /** The `+` operator as written: `None` exactly when the sum exceeds 1,
      but the `Some` branch holds the DIFFERENCE a - b, not the sum. */
  function Add(a: Degree, b: Degree): (r: Option<Degree>)
    ensures r.None? <==> a.value + b.value > 1.0
    ensures r.Some? ==> r.value.value + b.value == a.value
  {
    if a.value + b.value > 1.0 then None
    else Some(Degree(a.value - b.value))
  }

  /** The `+` operator as evidently intended: `None` exactly when the sum
      exceeds 1, otherwise the sum, which is then valid for valid operands. */
  function AddIntended(a: Degree, b: Degree): (r: Option<Degree>)
    ensures r.None? <==> a.value + b.value > 1.0
    ensures r.Some? ==> r.value.value - b.value == a.value
    ensures r.Some? && a.Valid() && b.Valid() ==> r.value.Valid()
  {
    if a.value + b.value > 1.0 then None
    else Some(Degree(a.value + b.value))
  }

  // ----- Helpers -----

  /** For x, y in [0, 1], the product lies in [0, min(x, y)]. */
  lemma ProductBounds(x: real, y: real)
    requires 0.0 <= x <= 1.0 && 0.0 <= y <= 1.0
    ensures 0.0 <= x * y
    ensures x * y <= x
    ensures x * y <= y
  {
    assert x * y <= x * 1.0;
    assert x * y <= 1.0 * y;
  }

  /** For x, y in [0, 1], the probabilistic sum x + y - x*y lies in
      [max(x, y), 1]. */
  lemma ProbabilisticSumBounds(x: real, y: real)
    requires 0.0 <= x <= 1.0 && 0.0 <= y <= 1.0
    ensures (x + y) - x * y <= 1.0
    ensures x <= (x + y) - x * y
    ensures y <= (x + y) - x * y
  {
    ProductBounds(1.0 - x, 1.0 - y);
    assert (1.0 - x) * (1.0 - y) == 1.0 - ((x + y) - x * y);
    ProductBounds(y, 1.0 - x);
    assert y * (1.0 - x) == y - x * y;
    ProductBounds(x, 1.0 - y);
    assert x * (1.0 - y) == x - x * y;
  }

  /** The result `PAnd` builds, stated for valid operands. */
  lemma ProductBelowAnd(a: Degree, b: Degree)
    ensures a.Valid() && b.Valid() ==>
      Degree(a.value * b.value).Valid() && Degree(a.value * b.value).value <= And(a, b).value
  {
    if a.Valid() && b.Valid() {
      var x, y := a.value, b.value;
      ProductBounds(x, y);
      var m := And(a, b).value;
      assert m == x || m == y;
      assert x * y <= m;
      var d := Degree(x * y);
      assert d.value == x * y;
    }
  }

  /** The result `POr` builds, stated for valid operands. */
  lemma ProbabilisticSumAboveOr(a: Degree, b: Degree)
    ensures a.Valid() && b.Valid() ==>
      Degree((a.value + b.value) - (a.value * b.value)).Valid() &&
      Or(a, b).value <= Degree((a.value + b.value) - (a.value * b.value)).value
  {
    if a.Valid() && b.Valid() {
      var x, y := a.value, b.value;
      ProbabilisticSumBounds(x, y);
      var s := (x + y) - x * y;
      var m := Or(a, b).value;
      assert m == x || m == y;
      assert m <= s;
      var d := Degree(s);
      assert d.value == s;
    }
  }

  // ----- Properties -----

  /** Every degree `New` returns lies between `Zero` and `One` in the order
      `Le`; the constants themselves are valid. */
  lemma NewIsBounded(v: real)
    ensures New(v).Some? ==> Le(Zero(), New(v).value) && Le(New(v).value, One())
    ensures Zero().Valid() && One().Valid()
  {
  }

  /** `And` and `Or` are idempotent and commutative. */
  lemma LatticeLaws(a: Degree, b: Degree)
    ensures And(a, a) == a && Or(a, a) == a
    ensures And(a, b) == And(b, a) && Or(a, b) == Or(b, a)
  {
  }

  /** `Not` is an involution. */
  lemma NotInvolutive(a: Degree)
    ensures Not(Not(a)) == a
  {
  }

  /** `Eq` is reflexive and symmetric. */
  lemma EqReflexiveSymmetric(a: Degree, b: Degree)
    ensures Eq(a, a)
    ensures Eq(a, b) == Eq(b, a)
  {
  }

  /** `Eq` is not transitive, and it disagrees with the exact order: two
      degrees can be `Eq` while one is strictly less than the other. */
  lemma EqNotTransitive()
    ensures Eq(Degree(0.0), Degree(0.0000006)) && Eq(Degree(0.0000006), Degree(0.0000012))
    ensures !Eq(Degree(0.0), Degree(0.0000012))
    ensures PartialCmp(Degree(0.0), Degree(0.0000006)) == Some(Less)
  {
  }

  /** `Div` can leave [0, 1] even for valid operands. */
  lemma DivCanLeaveUnitInterval()
    ensures Degree(0.5).Valid() && Degree(0.25).Valid()
    ensures !Div(Degree(0.5), Degree(0.25)).Valid()
  {
  }

  /** `Add` as written loses validity: 0.2 + 0.5 passes the range test, but
      the result holds 0.2 - 0.5 = -0.3, where the intended sum is 0.7. */
  lemma AddStoresDifference()
    ensures Add(Degree(0.2), Degree(0.5)) == Some(Degree(-0.3))
    ensures !Add(Degree(0.2), Degree(0.5)).value.Valid()
    ensures AddIntended(Degree(0.2), Degree(0.5)) == Some(Degree(0.7))
  {
  }
}
