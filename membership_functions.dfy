/** Membership functions: piecewise-linear shapes that map a crisp value onto
    a degree (membership_functions.rs). The generic numeric type of the
    source is collapsed to `real`. Every ramp value goes through
    `Degrees.New`, and a value that `New` rejects is replaced by `Zero`.
    The breakpoint assertions of each shape become its `requires`. */
module MembershipFunctions {
  import opened Options
  import opened Degrees
  import opened RealArithmetic

  /** `Degrees.New(d)` with `Zero` as the fallback: the ramp value d is used
      exactly when it lies in [0, 1]; otherwise the result is zero. */
  function NewOrZero(d: real): (r: Degree)
    ensures r.Valid()
    ensures 0.0 <= d <= 1.0 ==> r.value == d
    ensures !(0.0 <= d <= 1.0) ==> r.value == 0.0
  {
    match New(d)
    case None => Zero()
    case Some(g) => g
  }

  /** A step at threshold x0; the threshold itself belongs to the "one" side. */
  function Boolean(x: real, x0: real): (r: Degree)
    ensures r.Valid()
    ensures r.value == 0.0 <==> x < x0
    ensures r.value == 1.0 <==> x0 <= x
  {
    if x < x0 then Zero() else One()
  }

  /** A ramp rising from 0 at x0 to 1 at x1. */
  function Gradual(x: real, x0: real, x1: real): (r: Degree)
    requires x0 < x1
    ensures r.Valid()
    ensures x <= x0 ==> r.value == 0.0
    ensures x1 <= x ==> r.value == 1.0
    ensures x0 < x < x1 ==> r.value == (x - x0) / (x1 - x0) && 0.0 < r.value < 1.0
  {
    if x <= x0 then Zero()
    else if x >= x1 then One()
    else
      RisingRamp(x, x0, x1);
      NewOrZero(x / (x1 - x0) - x0 / (x1 - x0))
  }

  /** The complement of `Gradual`: one minus it, computed with the checked
      subtraction, whose failure branch can never be taken. */
  function ReverseGradual(x: real, x0: real, x1: real): (r: Degree)
    requires x0 < x1
    ensures r.Valid()
    ensures r == Not(Gradual(x, x0, x1))
  {
    match Sub(One(), Gradual(x, x0, x1))
    case None => Zero()
    case Some(d) => d
  }

  /** A triangle with feet x0 and x2 and peak x1, as written: the falling side
      computes (x1 - x) / (x1 - x0), which is negative there, so that whole
      side evaluates to zero. */
  function Triangular(x: real, x0: real, x1: real, x2: real): (r: Degree)
    requires x0 < x1 < x2
    ensures r.Valid()
    ensures x <= x0 || x2 <= x ==> r.value == 0.0
    ensures x == x1 ==> r.value == 1.0
    ensures x0 < x < x1 ==> r.value == (x - x0) / (x1 - x0) && 0.0 < r.value < 1.0
    ensures x1 < x < x2 ==> r.value == 0.0
  {
    if x <= x0 then Zero()
    else if x >= x2 then Zero()
    else if x > x1 then
      NegativeFall(x, x0, x1);
      NewOrZero(x1 / (x1 - x0) - x / (x1 - x0))
    else if x < x1 then
      RisingRamp(x, x0, x1);
      NewOrZero(x / (x1 - x0) - x0 / (x1 - x0))
    else One()
  }

  /** The triangle as evidently intended: the falling side is
      (x2 - x) / (x2 - x1), falling from 1 at x1 to 0 at x2. */
  function TriangularIntended(x: real, x0: real, x1: real, x2: real): (r: Degree)
    requires x0 < x1 < x2
    ensures r.Valid()
    ensures x <= x0 || x2 <= x ==> r.value == 0.0
    ensures x == x1 ==> r.value == 1.0
    ensures x0 < x < x1 ==> r.value == (x - x0) / (x1 - x0) && 0.0 < r.value < 1.0
    ensures x1 < x < x2 ==> r.value == (x2 - x) / (x2 - x1) && 0.0 < r.value < 1.0
  {
    if x <= x0 then Zero()
    else if x >= x2 then Zero()
    else if x > x1 then
      FallingRamp(x, x1, x2);
      NewOrZero(x2 / (x2 - x1) - x / (x2 - x1))
    else if x < x1 then
      RisingRamp(x, x0, x1);
      NewOrZero(x / (x1 - x0) - x0 / (x1 - x0))
    else One()
  }

  /** A trapezoid with feet x0, x3 and plateau [x1, x2], as written: the
      rising side computes x / (x1 - x0) - (x0 - (x1 - x0)), and the
      catch-all returns one for every x at or above x3. */
  function Trapezoid(x: real, x0: real, x1: real, x2: real, x3: real): (r: Degree)
    requires x0 < x1 < x2 < x3
    ensures r.Valid()
    ensures x <= x0 ==> r.value == 0.0
    ensures x0 < x < x1 ==>
      var d := x / (x1 - x0) - (x0 - (x1 - x0));
      r.value == if 0.0 <= d <= 1.0 then d else 0.0
    ensures x1 <= x <= x2 ==> r.value == 1.0
    ensures x2 < x < x3 ==> r.value == (x3 - x) / (x3 - x2) && 0.0 < r.value < 1.0
    ensures x3 <= x ==> r.value == 1.0
  {
    if x <= x0 then Zero()
    else if x0 < x && x < x1 then
      NewOrZero(x / (x1 - x0) - (x0 - (x1 - x0)))
    else if x2 < x && x < x3 then
      FallingRamp(x, x2, x3);
      NewOrZero(x3 / (x3 - x2) - x / (x3 - x2))
    else One()
  }

  /** The trapezoid as evidently intended: rising (x - x0) / (x1 - x0),
      plateau one, falling (x3 - x) / (x3 - x2), and zero at and above x3. */
  function TrapezoidIntended(x: real, x0: real, x1: real, x2: real, x3: real): (r: Degree)
    requires x0 < x1 < x2 < x3
    ensures r.Valid()
    ensures x <= x0 || x3 <= x ==> r.value == 0.0
    ensures x0 < x < x1 ==> r.value == (x - x0) / (x1 - x0) && 0.0 < r.value < 1.0
    ensures x1 <= x <= x2 ==> r.value == 1.0
    ensures x2 < x < x3 ==> r.value == (x3 - x) / (x3 - x2) && 0.0 < r.value < 1.0
  {
    if x <= x0 then Zero()
    else if x0 < x && x < x1 then
      RisingRamp(x, x0, x1);
      NewOrZero(x / (x1 - x0) - x0 / (x1 - x0))
    else if x2 < x && x < x3 then
      FallingRamp(x, x2, x3);
      NewOrZero(x3 / (x3 - x2) - x / (x3 - x2))
    else if x >= x3 then Zero()
    else One()
  }

  // ----- Helpers: the ramp arithmetic -----

  /** Between lo and hi, x / (hi - lo) - lo / (hi - lo) is the rising ramp
      (x - lo) / (hi - lo), strictly inside (0, 1). */
  lemma RisingRamp(x: real, lo: real, hi: real)
    requires lo < x < hi
    ensures x / (hi - lo) - lo / (hi - lo) == (x - lo) / (hi - lo)
    ensures 0.0 < (x - lo) / (hi - lo) < 1.0
  {
    var w := hi - lo;
    assert (x / w - lo / w) * w == x - lo;
    DivMonotone(0.0, x - lo, w);
    DivMonotone(x - lo, w, w);
    DivSelf(w);
    assert (x - lo) / w != 0.0 && (x - lo) / w != 1.0 by {
      assert (x - lo) / w * w == x - lo;
    }
  }

  /** Between lo and hi, hi / (hi - lo) - x / (hi - lo) is the falling ramp
      (hi - x) / (hi - lo), strictly inside (0, 1). */
  lemma FallingRamp(x: real, lo: real, hi: real)
    requires lo < x < hi
    ensures hi / (hi - lo) - x / (hi - lo) == (hi - x) / (hi - lo)
    ensures 0.0 < (hi - x) / (hi - lo) < 1.0
  {
    var w := hi - lo;
    assert (hi / w - x / w) * w == hi - x;
    DivMonotone(0.0, hi - x, w);
    DivMonotone(hi - x, w, w);
    DivSelf(w);
    assert (hi - x) / w != 0.0 && (hi - x) / w != 1.0 by {
      assert (hi - x) / w * w == hi - x;
    }
  }

  /** Past the peak x1, the falling value the triangle computes,
      x1 / (x1 - x0) - x / (x1 - x0), is negative. */
  lemma NegativeFall(x: real, x0: real, x1: real)
    requires x0 < x1 < x
    ensures x1 / (x1 - x0) - x / (x1 - x0) < 0.0
  {
    var w := x1 - x0;
    assert (x1 / w - x / w) * w == x1 - x;
    DivMonotone(x1, x, w);
    assert x1 / w != x / w by {
      assert x1 / w * w == x1 && x / w * w == x;
    }
  }

  /** One minus the rising ramp is the falling ramp over the same interval. */
  lemma RampComplement(x: real, lo: real, hi: real)
    requires lo < x < hi
    ensures 1.0 - (x - lo) / (hi - lo) == (hi - x) / (hi - lo)
  {
    var w := hi - lo;
    DivSum(hi - x, x - lo, w);
    DivSelf(w);
  }

  // ----- Properties -----

  /** `Gradual` is monotone non-decreasing in x. */
  lemma GradualMonotone(x: real, y: real, x0: real, x1: real)
    requires x0 < x1 && x <= y
    ensures Gradual(x, x0, x1).value <= Gradual(y, x0, x1).value
  {
    if x0 < x && y < x1 {
      DivMonotone(x - x0, y - x0, x1 - x0);
    }
  }

  /** `ReverseGradual` is one up to x0, zero from x1 on and the falling ramp
      (x1 - x) / (x1 - x0) in between. */
  lemma ReverseGradualShape(x: real, x0: real, x1: real)
    requires x0 < x1
    ensures x <= x0 ==> ReverseGradual(x, x0, x1).value == 1.0
    ensures x1 <= x ==> ReverseGradual(x, x0, x1).value == 0.0
    ensures x0 < x < x1 ==> ReverseGradual(x, x0, x1).value == (x1 - x) / (x1 - x0)
  {
    if x0 < x < x1 {
      RampComplement(x, x0, x1);
    }
  }

  /** `ReverseGradual` is monotone non-increasing in x. */
  lemma ReverseGradualMonotone(x: real, y: real, x0: real, x1: real)
    requires x0 < x1 && x <= y
    ensures ReverseGradual(y, x0, x1).value <= ReverseGradual(x, x0, x1).value
  {
    GradualMonotone(x, y, x0, x1);
  }

  /** The assertions of the `boolean` tests: large values and the threshold
      map to one, small values to zero. */
  lemma BooleanTests()
    ensures Eq(Boolean(10.2, 0.5), One())
    ensures Eq(Boolean(0.75, 0.75), One())
    ensures Eq(Boolean(-7.2, 0.5), Zero())
  {
  }

  /** With breakpoints 0.1, 0.5, 0.9 the intended triangle is 0.5 halfway down
      the falling side, but the triangle as written gives zero there. */
  lemma TriangularFallingSideVanishes()
    ensures Triangular(0.7, 0.1, 0.5, 0.9).value == 0.0
    ensures TriangularIntended(0.7, 0.1, 0.5, 0.9).value == 0.5
  {
  }

  /** With breakpoints 0.1, 0.3, 0.6, 0.9 the intended trapezoid is 0.5
      halfway up the rising side, but the ramp as written computes
      1.0 - (0.1 - 0.2) = 1.1, which `New` rejects, so the result is zero. */
  lemma TrapezoidRisingSideOffset()
    ensures Trapezoid(0.2, 0.1, 0.3, 0.6, 0.9).value == 0.0
    ensures TrapezoidIntended(0.2, 0.1, 0.3, 0.6, 0.9).value == 0.5
  {
  }

  /** Past the last foot x3 the trapezoid as written is one, where the
      intended shape is zero. */
  lemma TrapezoidAboveTopIsOne()
    ensures Trapezoid(1.0, 0.1, 0.3, 0.6, 0.9).value == 1.0
    ensures TrapezoidIntended(1.0, 0.1, 0.3, 0.6, 0.9).value == 0.0
  {
  }
}
