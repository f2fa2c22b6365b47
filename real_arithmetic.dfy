/** Facts about division of reals that the ramps of the membership functions
    and the rescaling of the Bayesian filter rely on. */
module RealArithmetic {

  /** A non-zero number divided by itself is one. */
  lemma DivSelf(w: real)
    requires w != 0.0
    ensures w / w == 1.0
  {
  }

  /** Division by a non-zero number distributes over a sum. */
  lemma DivSum(p: real, q: real, w: real)
    requires w != 0.0
    ensures (p + q) / w == p / w + q / w
  {
    assert (p / w) * w == p && (q / w) * w == q;
    assert (p / w + q / w) * w == p + q;
  }

  /** Division by a positive number preserves order. */
  lemma DivMonotone(p: real, q: real, w: real)
    requires p <= q && 0.0 < w
    ensures p / w <= q / w
  {
    assert (q / w - p / w) * w == q - p;
  }
}
